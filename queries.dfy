/**
 * The records-and-rules logic of the views as functions over the tables:
 * the loan limit, the monthly progress figures, the target lookups, the
 * status and username/date filters, and the grouped totals the charts show.
 * The views themselves (module Views) compute their pages from these.
 */
module Queries {
  import opened Wrappers
  import opened Calendar
  import opened Aggregates
  import opened Models

  // ---------------------------------------------------------------------------
  // Savings totals
  // ---------------------------------------------------------------------------

  function SavingsAmount(s: Savings): int { s.amount }
  function SavingsUser(s: Savings): string { s.user }
  function SavedMonth(s: Savings): Month { MonthOf(s.dateSaved) }
  function NewestSavedFirst(s: Savings): int { -s.dateSaved }

  /** `filter(user=user)` on savings. */
  function SavedBy(user: string): Savings -> bool {
    (s: Savings) => s.user == user
  }

  /** `Savings.objects.filter(user=user)`. */
  function SavingsOf(ss: seq<Savings>, user: string): seq<Savings> {
    Filter(ss, SavedBy(user))
  }

  /** All of a user's savings ever recorded, 0 with none. */
  function SavingsTotal(ss: seq<Savings>, user: string): int {
    KeySum(ss, SavingsUser, SavingsAmount, user)
  }

  /** A user's savings dated in month `m` (`date_saved__month`, `date_saved__year`), 0 with none. */
  function MonthSavingsTotal(ss: seq<Savings>, user: string, m: Month): int {
    KeySum(SavingsOf(ss, user), SavedMonth, SavingsAmount, m)
  }

  function RowMonthKey(row: (Month, int)): int { MonthOrdinal(row.0) }

  /** Savings grouped by `TruncMonth(date_saved)`, one row per month, oldest month first. */
  function MonthlySavings(ss: seq<Savings>): (rows: seq<(Month, int)>)
    ensures SortedBy(rows, RowMonthKey)
    ensures forall i :: 0 <= i < |rows| ==> rows[i].1 == KeySum(ss, SavedMonth, SavingsAmount, rows[i].0)
    ensures forall i, j :: 0 <= i < j < |rows| ==> rows[i].0 != rows[j].0
    ensures forall i :: 0 <= i < |rows| ==> exists s :: s in ss && SavedMonth(s) == rows[i].0
  {
    var g := GroupSum(ss, SavedMonth, SavingsAmount);
    var rows := SortBy(g, RowMonthKey);
    assert forall i :: 0 <= i < |rows| ==> rows[i] in multiset(g);
    PermutationKeepsDistinctKeys(g, rows);
    forall i | 0 <= i < |rows| ensures exists s :: s in ss && SavedMonth(s) == rows[i].0 {
      var j :| 0 <= j < |g| && g[j] == rows[i];
      GroupSumKeys(ss, SavedMonth, SavingsAmount, g[j].0);
    }
    rows
  }

  /** Every month in which something was saved has a row. */
  lemma MonthlySavingsCover(ss: seq<Savings>, s: Savings)
    requires s in ss
    ensures exists i :: 0 <= i < |MonthlySavings(ss)| && MonthlySavings(ss)[i].0 == SavedMonth(s)
  {
    var g := GroupSum(ss, SavedMonth, SavingsAmount);
    GroupSumKeys(ss, SavedMonth, SavingsAmount, SavedMonth(s));
    var j :| 0 <= j < |g| && g[j].0 == SavedMonth(s);
    var rows := MonthlySavings(ss);
    assert rows == SortBy(g, RowMonthKey);
    assert g[j] in multiset(rows);
  }

  /** A member's total is the plain sum of the member's own savings rows. */
  lemma SavingsTotalIsOwnSum(ss: seq<Savings>, user: string)
    ensures SavingsTotal(ss, user) == SumBy(SavingsOf(ss, user), SavingsAmount)
  {
    KeySumIsFilteredSum(ss, SavedBy(user), SavingsUser, SavingsAmount, user);
  }

  /** Adding a savings row changes only its owner's total, by its amount. */
  lemma SavingsTotalAfterAppend(ss: seq<Savings>, s: Savings, user: string)
    ensures SavingsTotal(ss + [s], user) == SavingsTotal(ss, user) + (if s.user == user then s.amount else 0)
  {
    KeySumSnoc(ss, s, SavingsUser, SavingsAmount, user);
  }

  /** A user without savings rows has total 0. */
  lemma SavingsTotalWithoutRows(ss: seq<Savings>, user: string)
    requires forall s :: s in ss ==> s.user != user
    ensures SavingsTotal(ss, user) == 0
  {
    KeySumAbsent(ss, SavingsUser, SavingsAmount, user);
  }

  // ---------------------------------------------------------------------------
  // Loan limit
  // ---------------------------------------------------------------------------

  const LoanLimitMultiplier: int := 3

  /** The most a member may borrow: three times the member's lifetime savings. */
  function LoanLimit(ss: seq<Savings>, user: string): int {
    LoanLimitMultiplier * SavingsTotal(ss, user)
  }

  /** An application is refused exactly when its amount is above the limit. */
  predicate OverLimit(amount: Cents, limit: int) {
    amount > limit
  }

  /** The limit is 0 without savings; an amount equal to the limit passes and one cent more does not. */
  lemma LoanLimitBoundary(ss: seq<Savings>, user: string)
    ensures (forall s :: s in ss ==> s.user != user) ==> LoanLimit(ss, user) == 0
    ensures !OverLimit(LoanLimit(ss, user), LoanLimit(ss, user))
    ensures OverLimit(LoanLimit(ss, user) + 1, LoanLimit(ss, user))
  {
    if forall s :: s in ss ==> s.user != user {
      SavingsTotalWithoutRows(ss, user);
    }
  }

  /** A new savings row of the member raises the limit by three times its amount. */
  lemma LoanLimitAfterSaving(ss: seq<Savings>, s: Savings)
    ensures LoanLimit(ss + [s], s.user) == LoanLimit(ss, s.user) + LoanLimitMultiplier * s.amount
  {
    SavingsTotalAfterAppend(ss, s, s.user);
  }

  // ---------------------------------------------------------------------------
  // Monthly progress
  // ---------------------------------------------------------------------------

  /** `total / target * 100` when the target is non-zero, else 0 (exact division). */
  function Progress(total: int, target: int): (p: real)
    ensures target != 0 ==> p * (target as real) == (total as real) * 100.0
    ensures target == 0 ==> p == 0.0
  {
    if target != 0 then (total as real / target as real) * 100.0 else 0.0
  }

  /** What is still to be saved this month, never negative. */
  function Remaining(total: int, target: int): (r: int)
    ensures r >= 0
    ensures total < target ==> total + r == target
    ensures total >= target ==> r == 0
  {
    if target - total > 0 then target - total else 0
  }

  const MidMonthDay: int := 15

  /** From the 15th of the month on, nothing saved this month raises the warning. */
  predicate MidMonthWarning(now: Instant, monthTotal: int) {
    DayOfMonth(now) >= MidMonthDay && monthTotal == 0
  }

  /** `user_month_savings >= target_amount and target_amount > 0`. */
  predicate MetTarget(monthSavings: int, target: int) {
    monthSavings >= target && target > 0
  }

  /** A met target shows on the member's dashboard as 100% or more and nothing remaining. */
  lemma MetTargetMeansGoalReached(total: int, target: int)
    requires MetTarget(total, target)
    ensures Remaining(total, target) == 0
    ensures Progress(total, target) >= 100.0
  {
    var p, t := Progress(total, target), target as real;
    assert p * t >= 100.0 * t;
  }

  /** Progress reaches 100% exactly when the month's savings reach a positive target. */
  lemma ProgressReachesHundred(total: int, target: int)
    requires target > 0
    ensures Progress(total, target) >= 100.0 <==> total >= target
  {
    var p, t := Progress(total, target), target as real;
    if p >= 100.0 {
      assert p * t >= 100.0 * t;
    } else {
      assert p * t < 100.0 * t;
    }
  }

  /** A month in which the member has no savings row counts as 0 saved. */
  lemma MonthWithoutSavings(ss: seq<Savings>, user: string, m: Month)
    requires forall s :: s in ss && s.user == user ==> SavedMonth(s) != m
    ensures MonthSavingsTotal(ss, user, m) == 0
  {
    KeySumAbsent(SavingsOf(ss, user), SavedMonth, SavingsAmount, m);
  }

  /** With positive amounts, the month's total is 0 exactly when the member saved nothing that month. */
  lemma MonthTotalZeroIffNoSavings(ss: seq<Savings>, user: string, m: Month)
    requires forall s :: s in ss ==> s.amount > 0
    ensures MonthSavingsTotal(ss, user, m) == 0 <==> forall s :: s in ss && s.user == user ==> SavedMonth(s) != m
  {
    KeySumZeroIff(SavingsOf(ss, user), SavedMonth, SavingsAmount, m);
  }

  // ---------------------------------------------------------------------------
  // Targets
  // ---------------------------------------------------------------------------

  function TargetMonth(t: SavingsTarget): Month { Month(t.year, t.month) }
  function OldestTargetFirst(t: SavingsTarget): int { MonthOrdinal(TargetMonth(t)) }
  function NewestTargetFirst(t: SavingsTarget): int { -MonthOrdinal(TargetMonth(t)) }

  predicate InSlot(t: SavingsTarget, user: string, m: Month) {
    t.user == user && t.month == m.month && t.year == m.year
  }

  /** The position of the first target for (user, month, year), if there is one (`.filter(...).first()`). */
  function TargetIndex(ts: seq<SavingsTarget>, user: string, m: Month): (r: Option<nat>)
    ensures r.Some? ==> r.value < |ts| && InSlot(ts[r.value], user, m)
    ensures r.Some? ==> forall i :: 0 <= i < r.value ==> !InSlot(ts[i], user, m)
    ensures r.None? ==> forall i :: 0 <= i < |ts| ==> !InSlot(ts[i], user, m)
    decreases |ts|
  {
    if ts == [] then None
    else if InSlot(ts[0], user, m) then Some(0)
    else
      match TargetIndex(ts[1..], user, m)
      case Some(i) => Some(i + 1)
      case None => None
  }

  /** The amount of the user's target for month `m`, 0 when none is set. */
  function TargetAmountFor(ts: seq<SavingsTarget>, user: string, m: Month): int {
    match TargetIndex(ts, user, m)
    case Some(i) => ts[i].amount
    case None => 0
  }

  /** With unique slots, the target found is the only one for its slot. */
  lemma TargetIndexUnique(ts: seq<SavingsTarget>, user: string, m: Month, j: nat)
    requires UniqueTargets(ts)
    requires j < |ts| && InSlot(ts[j], user, m)
    ensures TargetIndex(ts, user, m) == Some(j)
  {
    var r := TargetIndex(ts, user, m);
    if r.Some? && r.value != j {
      assert SameSlot(ts[r.value], ts[j]);
      assert false;
    }
  }

  /** Two sequences whose elements agree position by position on membership of a slot find the same target. */
  lemma {:induction false} TargetIndexSameSlots(a: seq<SavingsTarget>, b: seq<SavingsTarget>, user: string, m: Month)
    requires |a| == |b|
    requires forall j :: 0 <= j < |a| ==> (InSlot(a[j], user, m) <==> InSlot(b[j], user, m))
    ensures TargetIndex(a, user, m) == TargetIndex(b, user, m)
    decreases |a|
  {
    if a != [] {
      assert forall j :: 0 <= j < |a| - 1 ==> a[1..][j] == a[j + 1] && b[1..][j] == b[j + 1];
      TargetIndexSameSlots(a[1..], b[1..], user, m);
    }
  }

  /** A target appended outside the slot does not change what the slot finds. */
  lemma {:induction false} TargetIndexAppendOther(ts: seq<SavingsTarget>, t: SavingsTarget, user: string, m: Month)
    requires !InSlot(t, user, m)
    ensures TargetIndex(ts + [t], user, m) == TargetIndex(ts, user, m)
    decreases |ts|
  {
    if ts == [] {
      assert [t][1..] == [];
    } else {
      assert (ts + [t])[1..] == ts[1..] + [t];
      TargetIndexAppendOther(ts[1..], t, user, m);
    }
  }

  /**
   * `set_target` on a POST: the month's existing target gets the new amount,
   * or a new target for the month is created.
   */
  function UpsertTarget(ts: seq<SavingsTarget>, user: string, m: Month, amount: Cents, now: Instant): (r: seq<SavingsTarget>)
    ensures TargetIndex(ts, user, m).Some? ==> |r| == |ts|
    ensures TargetIndex(ts, user, m).None? ==> |r| == |ts| + 1
    ensures TargetAmountFor(r, user, m) == amount
    ensures forall u, m' :: !(u == user && m' == m) ==> TargetAmountFor(r, u, m') == TargetAmountFor(ts, u, m')
    ensures forall t :: t in r ==> t in ts || (InSlot(t, user, m) && t.amount == amount)
    ensures UniqueTargets(ts) ==> UniqueTargets(r)
  {
    match TargetIndex(ts, user, m)
    case Some(i) =>
      var r := ts[i := ts[i].(amount := amount)];
      UpdateSlot(ts, user, m, amount, i, r);
      UpdateSlotRows(ts, user, m, amount, i, r);
      r
    case None =>
      var t := SavingsTarget(user, m.month, m.year, amount, now);
      AppendSlot(ts, user, m, t, ts + [t]);
      ts + [t]
  }

  /** Updating the slot's target in place sets the slot's amount and leaves every other slot alone. */
  lemma UpdateSlot(ts: seq<SavingsTarget>, user: string, m: Month, amount: Cents, i: nat, r: seq<SavingsTarget>)
    requires TargetIndex(ts, user, m) == Some(i)
    requires r == ts[i := ts[i].(amount := amount)]
    ensures TargetAmountFor(r, user, m) == amount
    ensures forall u, m' :: !(u == user && m' == m) ==> TargetAmountFor(r, u, m') == TargetAmountFor(ts, u, m')
  {
    assert TargetIndex(r, user, m) == Some(i) by {
      TargetIndexSameSlots(r, ts, user, m);
    }
    forall u, m' | !(u == user && m' == m) ensures TargetAmountFor(r, u, m') == TargetAmountFor(ts, u, m') {
      TargetIndexSameSlots(r, ts, u, m');
    }
  }

  /** Updating one target's amount keeps every row's slot, so unique slots stay unique. */
  lemma UpdateSlotRows(ts: seq<SavingsTarget>, user: string, m: Month, amount: Cents, i: nat, r: seq<SavingsTarget>)
    requires i < |ts| && InSlot(ts[i], user, m)
    requires r == ts[i := ts[i].(amount := amount)]
    ensures forall t :: t in r ==> t in ts || (InSlot(t, user, m) && t.amount == amount)
    ensures UniqueTargets(ts) ==> UniqueTargets(r)
  {
    assert forall j, k :: 0 <= j < k < |r| ==> (SameSlot(r[j], r[k]) <==> SameSlot(ts[j], ts[k]));
  }

  /** Appending a target for an empty slot sets that slot's amount and leaves every other slot alone. */
  lemma AppendSlot(ts: seq<SavingsTarget>, user: string, m: Month, t: SavingsTarget, r: seq<SavingsTarget>)
    requires TargetIndex(ts, user, m).None? && InSlot(t, user, m)
    requires r == ts + [t]
    ensures TargetIndex(r, user, m) == Some(|ts|)
    ensures forall u, m' :: !(u == user && m' == m) ==> TargetAmountFor(r, u, m') == TargetAmountFor(ts, u, m')
    ensures UniqueTargets(ts) ==> UniqueTargets(r)
  {
    assert r[|ts|] == t;
    assert forall j :: 0 <= j < |ts| ==> r[j] == ts[j];
    forall u, m' | !(u == user && m' == m) ensures TargetAmountFor(r, u, m') == TargetAmountFor(ts, u, m') {
      TargetIndexAppendOther(ts, t, u, m');
    }
  }

  function TargetsOf(ts: seq<SavingsTarget>, user: string): seq<SavingsTarget> {
    Filter(ts, (t: SavingsTarget) => t.user == user)
  }

  /** `SavingsTarget.objects.filter(user=user).order_by('year', 'month')`. */
  function ChartTargets(ts: seq<SavingsTarget>, user: string): (r: seq<SavingsTarget>)
    ensures SortedBy(r, OldestTargetFirst)
    ensures multiset(r) == multiset(TargetsOf(ts, user))
    ensures forall t :: multiset(r)[t] == if t.user == user then multiset(ts)[t] else 0
    ensures forall t :: t in r <==> t in ts && t.user == user
  {
    SortByMembers(TargetsOf(ts, user), OldestTargetFirst);
    SortBy(TargetsOf(ts, user), OldestTargetFirst)
  }

  /** `SavingsTarget.objects.filter(user=user).order_by('-year', '-month')`. */
  function TargetHistory(ts: seq<SavingsTarget>, user: string): (r: seq<SavingsTarget>)
    ensures SortedBy(r, NewestTargetFirst)
    ensures multiset(r) == multiset(TargetsOf(ts, user))
    ensures forall t :: t in r <==> t in ts && t.user == user
  {
    SortByMembers(TargetsOf(ts, user), NewestTargetFirst);
    SortBy(TargetsOf(ts, user), NewestTargetFirst)
  }

  /** For months 1..12 the ordinal orders months by (year, month). */
  lemma MonthOrdinalOrder(a: Month, b: Month)
    requires 1 <= a.month <= 12 && 1 <= b.month <= 12
    ensures MonthOrdinal(a) < MonthOrdinal(b) <==> a.year < b.year || (a.year == b.year && a.month < b.month)
    ensures MonthOrdinal(a) == MonthOrdinal(b) <==> a == b
  {
  }

  /**
   * The chart's savings series: for each target month, that month's savings
   * looked up in the grouped monthly totals, 0 when the month has none.
   */
  lemma ChartLookup(ss: seq<Savings>, user: string, m: Month)
    ensures FirstMatch(MonthlySavings(SavingsOf(ss, user)), m) == MonthSavingsTotal(ss, user, m)
  {
    var own := SavingsOf(ss, user);
    GroupLookup(own, SavedMonth, SavingsAmount, MonthlySavings(own), m);
  }

  // ---------------------------------------------------------------------------
  // Loan lists
  // ---------------------------------------------------------------------------

  /** The position of the loan with id `id` (`Loan.objects.get(id=...)`), if there is one. */
  function LoanIndex(ls: seq<Loan>, id: nat): (r: Option<nat>)
    ensures r.Some? ==> r.value < |ls| && ls[r.value].id == id
    ensures r.None? ==> forall i :: 0 <= i < |ls| ==> ls[i].id != id
    decreases |ls|
  {
    if ls == [] then None
    else if ls[0].id == id then Some(0)
    else
      match LoanIndex(ls[1..], id)
      case Some(i) => Some(i + 1)
      case None => None
  }

  function LoanStatusOf(l: Loan): LoanStatus { l.status }
  function LoanAmount(l: Loan): int { l.amount }
  function One(l: Loan): int { 1 }
  function NewestAppliedFirst(l: Loan): int { -l.dateApplied }

  /** `request.GET.get('status') or 'PENDING'`: an absent or empty parameter means PENDING. */
  function AdminStatusSelection(param: Option<string>): (sel: string)
    ensures param.None? ==> sel == "PENDING"
    ensures param.Some? ==> sel == (if param.value == "" then "PENDING" else param.value)
  {
    if param.None? || param.value == "" then "PENDING" else param.value
  }

  /** `request.GET.get('status', 'PENDING')`: only an absent parameter means PENDING. */
  function UserStatusSelection(param: Option<string>): string {
    param.GetOr("PENDING")
  }

  /** The two loan views agree on an absent status and differ on an empty one. */
  lemma StatusDefaultsDiffer(ls: seq<Loan>)
    ensures AdminStatusSelection(None) == UserStatusSelection(None) == "PENDING"
    ensures AdminStatusSelection(Some("")) == "PENDING"
    ensures UserStatusSelection(Some("")) == ""
    ensures WithStatusName(ls, UserStatusSelection(Some(""))) == ls
  {
  }

  /** The loans with the named status; every loan when the name is not a status. */
  function WithStatusName(ls: seq<Loan>, selected: string): (r: seq<Loan>)
    ensures StatusFromName(selected).None? ==> r == ls
    ensures StatusFromName(selected).Some? ==>
      forall l :: l in r <==> l in ls && StatusName(l.status) == selected
    ensures multiset(r) <= multiset(ls)
    ensures forall l :: multiset(r)[l] == (if StatusFromName(selected).None? || StatusName(l.status) == selected
                                            then multiset(ls)[l] else 0)
  {
    match StatusFromName(selected)
    case Some(st) => Filter(ls, (l: Loan) => l.status == st)
    case None => ls
  }

  function LoansOf(ls: seq<Loan>, user: string): seq<Loan> {
    Filter(ls, (l: Loan) => l.user == user)
  }

  /** The admin dashboard's list: filtered by status, then newest application first. */
  function AdminLoanList(ls: seq<Loan>, selected: string): (r: seq<Loan>)
    ensures SortedBy(r, NewestAppliedFirst)
    ensures multiset(r) == multiset(WithStatusName(ls, selected))
  {
    SortBy(WithStatusName(ls, selected), NewestAppliedFirst)
  }

  /** The member's list: own loans newest first, then filtered by status. */
  function UserLoanList(ls: seq<Loan>, user: string, selected: string): (r: seq<Loan>)
    ensures SortedBy(r, NewestAppliedFirst)
    ensures forall l :: l in r <==>
      (l in ls && l.user == user && (StatusFromName(selected).Some? ==> StatusName(l.status) == selected))
    ensures forall l :: multiset(r)[l] == (if l.user == user && (StatusFromName(selected).Some? ==> StatusName(l.status) == selected)
                                            then multiset(ls)[l] else 0)
  {
    var sorted := SortBy(LoansOf(ls, user), NewestAppliedFirst);
    SortByMembers(LoansOf(ls, user), NewestAppliedFirst);
    match StatusFromName(selected)
    case Some(st) =>
      FilterKeepsSorted(sorted, (l: Loan) => l.status == st, NewestAppliedFirst);
      WithStatusName(sorted, selected)
    case None => WithStatusName(sorted, selected)
  }

  /** Loans counted per status (`values('status').annotate(count=Count('id'))`). */
  function StatusCounts(ls: seq<Loan>): seq<(LoanStatus, int)> {
    GroupSum(ls, LoanStatusOf, One)
  }

  /** Loan amounts summed per status (`values('status').annotate(total=Sum('amount'))`). */
  function StatusAmounts(ls: seq<Loan>): seq<(LoanStatus, int)> {
    GroupSum(ls, LoanStatusOf, LoanAmount)
  }

  /** A status count is the number of loans with that status. */
  lemma {:induction false} StatusCountIsCount(ls: seq<Loan>, st: LoanStatus)
    ensures KeySum(ls, LoanStatusOf, One, st) == |Filter(ls, (l: Loan) => l.status == st)|
    decreases |ls|
  {
    if ls != [] {
      StatusCountIsCount(ls[..|ls| - 1], st);
    }
  }

  // ---------------------------------------------------------------------------
  // Username and date filters
  // ---------------------------------------------------------------------------

  function LowerAscii(c: char): char {
    if 'A' <= c <= 'Z' then (c as int + 32) as char else c
  }

  /**
   * ASCII lower-casing: no capital `A`..`Z` is left, each capital becomes
   * the small letter at the same place in the alphabet, and every other
   * character is kept.
   */
  function Lower(s: string): (r: string)
    ensures |r| == |s|
    ensures forall i :: 0 <= i < |r| ==> !('A' <= r[i] <= 'Z')
    ensures forall i :: 0 <= i < |s| && 'A' <= s[i] <= 'Z' ==>
      'a' <= r[i] <= 'z' && r[i] as int - 'a' as int == s[i] as int - 'A' as int
    ensures forall i :: 0 <= i < |s| && !('A' <= s[i] <= 'Z') ==> r[i] == s[i]
  {
    seq(|s|, i requires 0 <= i < |s| => LowerAscii(s[i]))
  }

  /** Lower-casing text that is already lower-cased changes nothing. */
  lemma LowerIdempotent(s: string)
    ensures Lower(Lower(s)) == Lower(s)
  {
    var r := Lower(s);
    assert forall i :: 0 <= i < |r| ==> Lower(r)[i] == r[i];
  }

  /** `needle` occurs in `hay` starting at position `i`. */
  predicate OccursAt(hay: string, needle: string, i: int) {
    0 <= i <= |hay| - |needle| && hay[i..i + |needle|] == needle
  }

  /** `needle` occurs in `hay` as a contiguous run (Python's `in` on strings). */
  function Contains(hay: string, needle: string): (b: bool)
    ensures b <==> exists i :: OccursAt(hay, needle, i)
    decreases |hay|
  {
    if needle <= hay then
      assert OccursAt(hay, needle, 0);
      true
    else if hay == [] then false
    else
      ContainsStep(hay, needle);
      Contains(hay[1..], needle)
  }

  /** When `needle` does not start `hay`, it occurs in `hay` exactly when it occurs in `hay[1..]`. */
  lemma ContainsStep(hay: string, needle: string)
    requires hay != [] && !(needle <= hay)
    ensures (exists i :: OccursAt(hay, needle, i)) <==> (exists i :: OccursAt(hay[1..], needle, i))
  {
    forall i | OccursAt(hay[1..], needle, i) ensures OccursAt(hay, needle, i + 1) {
      assert hay[1..][i..i + |needle|] == hay[i + 1..i + 1 + |needle|];
    }
    forall i | OccursAt(hay, needle, i) ensures OccursAt(hay[1..], needle, i - 1) {
      if i == 0 {
        assert false;
      }
      assert hay[1..][i - 1..i - 1 + |needle|] == hay[i..i + |needle|];
    }
  }

  /** `user__username__icontains=filter` (ASCII case folding), or no filter when the parameter is empty. */
  predicate UsernameMatches(username: string, filter: string) {
    filter == "" || Contains(Lower(username), Lower(filter))
  }

  /** The username filter ignores ASCII case, in the username and in the filter. */
  lemma UsernameMatchesIgnoresCase(username: string, filter: string)
    ensures UsernameMatches(Lower(username), filter) == UsernameMatches(username, filter)
    ensures UsernameMatches(username, Lower(filter)) == UsernameMatches(username, filter)
  {
    LowerIdempotent(username);
    LowerIdempotent(filter);
  }

  /** `__date__gte=start` and `__date__lte=end`, each only when given. */
  predicate InDateRange(t: Instant, start: Option<int>, end: Option<int>) {
    (start.None? || DayOf(t) >= start.value) && (end.None? || DayOf(t) <= end.value)
  }

  predicate SavingsMatch(s: Savings, userFilter: string, start: Option<int>, end: Option<int>) {
    UsernameMatches(s.user, userFilter) && InDateRange(s.dateSaved, start, end)
  }

  /** The admin savings list: all savings newest first, then the username and date filters. */
  function AdminSavingsList(ss: seq<Savings>, userFilter: string, start: Option<int>, end: Option<int>): (r: seq<Savings>)
    ensures SortedBy(r, NewestSavedFirst)
    ensures multiset(r) == multiset(Filter(ss, (s: Savings) => SavingsMatch(s, userFilter, start, end)))
  {
    var sorted := SortBy(ss, NewestSavedFirst);
    var p := (s: Savings) => SavingsMatch(s, userFilter, start, end);
    FilterKeepsSorted(sorted, p, NewestSavedFirst);
    FilterPermutation(sorted, ss, p);
    Filter(sorted, p)
  }

  /** The filtered total is the sum over every saving that passes the filters, whatever its order. */
  lemma AdminSavingsTotal(ss: seq<Savings>, userFilter: string, start: Option<int>, end: Option<int>)
    ensures SumBy(AdminSavingsList(ss, userFilter, start, end), SavingsAmount)
         == SumBy(Filter(ss, (s: Savings) => SavingsMatch(s, userFilter, start, end)), SavingsAmount)
  {
    SumByPermutation(AdminSavingsList(ss, userFilter, start, end),
                     Filter(ss, (s: Savings) => SavingsMatch(s, userFilter, start, end)), SavingsAmount);
  }

  function LargestTotalFirst(row: (string, int)): int { -row.1 }

  /**
   * Savings totals per username under the username filter only (no date
   * filter), largest total first.
   */
  function PerUserTotals(ss: seq<Savings>, userFilter: string): (rows: seq<(string, int)>)
    ensures SortedBy(rows, LargestTotalFirst)
    ensures forall i :: 0 <= i < |rows| ==>
      UsernameMatches(rows[i].0, userFilter) && rows[i].1 == SavingsTotal(ss, rows[i].0)
    ensures forall i, j :: 0 <= i < j < |rows| ==> rows[i].0 != rows[j].0
    ensures forall i :: 0 <= i < |rows| ==> exists s :: s in ss && s.user == rows[i].0
  {
    var matching := Filter(ss, (s: Savings) => UsernameMatches(s.user, userFilter));
    var g := GroupSum(matching, SavingsUser, SavingsAmount);
    var rows := SortBy(g, LargestTotalFirst);
    forall i | 0 <= i < |rows|
      ensures UsernameMatches(rows[i].0, userFilter) && rows[i].1 == SavingsTotal(ss, rows[i].0)
      ensures exists s :: s in ss && s.user == rows[i].0
    {
      assert rows[i] in multiset(g);
      var j :| 0 <= j < |g| && g[j] == rows[i];
      GroupSumKeys(matching, SavingsUser, SavingsAmount, g[j].0);
      PerUserTotalIsUserTotal(ss, userFilter, g[j].0);
    }
    PermutationKeepsDistinctKeys(g, rows);
    rows
  }

  /** For a username that passes the filter, totalling the filtered rows is totalling all its rows. */
  lemma PerUserTotalIsUserTotal(ss: seq<Savings>, userFilter: string, user: string)
    requires UsernameMatches(user, userFilter)
    ensures KeySum(Filter(ss, (s: Savings) => UsernameMatches(s.user, userFilter)), SavingsUser, SavingsAmount, user)
         == SavingsTotal(ss, user)
  {
    KeySumOfFilter(ss, (s: Savings) => UsernameMatches(s.user, userFilter), SavingsUser, SavingsAmount, user);
  }

  /** Every username with a saving that passes the filter has a row. */
  lemma PerUserTotalsCover(ss: seq<Savings>, userFilter: string, s: Savings)
    requires s in ss && UsernameMatches(s.user, userFilter)
    ensures exists i :: 0 <= i < |PerUserTotals(ss, userFilter)| && PerUserTotals(ss, userFilter)[i].0 == s.user
  {
    var matching := Filter(ss, (x: Savings) => UsernameMatches(x.user, userFilter));
    var g := GroupSum(matching, SavingsUser, SavingsAmount);
    GroupSumKeys(matching, SavingsUser, SavingsAmount, s.user);
    var j :| 0 <= j < |g| && g[j].0 == s.user;
    var rows := PerUserTotals(ss, userFilter);
    assert rows == SortBy(g, LargestTotalFirst);
    assert g[j] in multiset(rows);
  }

  // ---------------------------------------------------------------------------
  // Welfare contributions
  // ---------------------------------------------------------------------------

  function ContributionAmount(w: WelfareContribution): int { w.amount }
  function ContributionUser(w: WelfareContribution): string { w.user }
  function ContributedMonth(w: WelfareContribution): Month { MonthOf(w.dateContributed) }
  function NewestContributedFirst(w: WelfareContribution): int { -w.dateContributed }

  /** `filter(user=user)` on contributions. */
  function ContributedBy(user: string): WelfareContribution -> bool {
    (w: WelfareContribution) => w.user == user
  }

  function ContributionsOf(ws: seq<WelfareContribution>, user: string): seq<WelfareContribution> {
    Filter(ws, ContributedBy(user))
  }

  /** A member's contributions, newest first (`order_by('-date_contributed')`). */
  function ContributionHistory(ws: seq<WelfareContribution>, user: string): (r: seq<WelfareContribution>)
    ensures SortedBy(r, NewestContributedFirst)
    ensures forall w :: multiset(r)[w] == if w.user == user then multiset(ws)[w] else 0
    ensures forall w :: w in r <==> w in ws && w.user == user
  {
    SortByMembers(ContributionsOf(ws, user), NewestContributedFirst);
    SortBy(ContributionsOf(ws, user), NewestContributedFirst)
  }

  /** Everything a member has contributed, 0 with no contributions. */
  function WelfareTotal(ws: seq<WelfareContribution>, user: string): int {
    KeySum(ws, ContributionUser, ContributionAmount, user)
  }

  /** A member's welfare total is the plain sum of the member's own contributions. */
  lemma WelfareTotalIsOwnSum(ws: seq<WelfareContribution>, user: string)
    ensures WelfareTotal(ws, user) == SumBy(ContributionsOf(ws, user), ContributionAmount)
  {
    KeySumIsFilteredSum(ws, ContributedBy(user), ContributionUser, ContributionAmount, user);
  }

  /** One more contribution raises only its owner's total, by its amount. */
  lemma WelfareTotalAfterAppend(ws: seq<WelfareContribution>, w: WelfareContribution, user: string)
    ensures WelfareTotal(ws + [w], user) == WelfareTotal(ws, user) + (if w.user == user then w.amount else 0)
  {
    KeySumSnoc(ws, w, ContributionUser, ContributionAmount, user);
  }

  predicate ContributionMatch(w: WelfareContribution, userFilter: string, start: Option<int>, end: Option<int>) {
    UsernameMatches(w.user, userFilter) && InDateRange(w.dateContributed, start, end)
  }

  /** The admin welfare list: all contributions newest first, then the username and date filters. */
  function AdminWelfareList(ws: seq<WelfareContribution>, userFilter: string, start: Option<int>, end: Option<int>)
    : (r: seq<WelfareContribution>)
    ensures SortedBy(r, NewestContributedFirst)
    ensures multiset(r) == multiset(Filter(ws, (w: WelfareContribution) => ContributionMatch(w, userFilter, start, end)))
  {
    var sorted := SortBy(ws, NewestContributedFirst);
    var p := (w: WelfareContribution) => ContributionMatch(w, userFilter, start, end);
    FilterKeepsSorted(sorted, p, NewestContributedFirst);
    FilterPermutation(sorted, ws, p);
    Filter(sorted, p)
  }

  /** Contributions grouped by `TruncMonth(date_contributed)`, oldest month first. */
  function MonthlyWelfare(ws: seq<WelfareContribution>): (rows: seq<(Month, int)>)
    ensures SortedBy(rows, RowMonthKey)
    ensures forall i :: 0 <= i < |rows| ==> rows[i].1 == KeySum(ws, ContributedMonth, ContributionAmount, rows[i].0)
    ensures forall i, j :: 0 <= i < j < |rows| ==> rows[i].0 != rows[j].0
    ensures forall i :: 0 <= i < |rows| ==> exists w :: w in ws && ContributedMonth(w) == rows[i].0
  {
    var g := GroupSum(ws, ContributedMonth, ContributionAmount);
    var rows := SortBy(g, RowMonthKey);
    assert forall i :: 0 <= i < |rows| ==> rows[i] in multiset(g);
    PermutationKeepsDistinctKeys(g, rows);
    forall i | 0 <= i < |rows| ensures exists w :: w in ws && ContributedMonth(w) == rows[i].0 {
      var j :| 0 <= j < |g| && g[j] == rows[i];
      GroupSumKeys(ws, ContributedMonth, ContributionAmount, g[j].0);
    }
    rows
  }

  /** Every month in which something was contributed has a row. */
  lemma MonthlyWelfareCover(ws: seq<WelfareContribution>, w: WelfareContribution)
    requires w in ws
    ensures exists i :: 0 <= i < |MonthlyWelfare(ws)| && MonthlyWelfare(ws)[i].0 == ContributedMonth(w)
  {
    var g := GroupSum(ws, ContributedMonth, ContributionAmount);
    GroupSumKeys(ws, ContributedMonth, ContributionAmount, ContributedMonth(w));
    var j :| 0 <= j < |g| && g[j].0 == ContributedMonth(w);
    var rows := MonthlyWelfare(ws);
    assert rows == SortBy(g, RowMonthKey);
    assert g[j] in multiset(rows);
  }
}
