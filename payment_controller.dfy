/** The payments endpoints: the membership ledger transaction that records a payment and
    extends a membership, the payment history query, and the revenue total. */
module PaymentController {
  import opened Store
  import opened Ordering

  datatype AddPaymentResult = Recorded(newEndDate: Day, paymentId: int) | MemberNotFound | StorageFailure

  /** Which statement of the transaction, if any, the store rejects. */
  datatype Fault = NoFault | InsertFails | UpdateFails | CommitFails

  /** A membership counts as expired when it has no end date or the end date is before today. */
  predicate Expired(endDate: Option<Day>, today: Day) {
    endDate.None? || endDate.value < today
  }

  /** The end date after crediting `days`: counted from today for an expired membership,
      from the current end date otherwise. */
  function ExtendedEndDate(endDate: Option<Day>, today: Day, days: int): (r: Day)
    ensures r - days >= today
    ensures endDate.Some? ==> r - days >= endDate.value
    ensures r - days == today || (endDate.Some? && r - days == endDate.value)
  {
    var anchor := if Expired(endDate, today) then today else endDate.value;
    anchor + days
  }

  /** A lapsed or never-started membership restarts today; its old end date is discarded. */
  lemma ExpiredRestartsToday(endDate: Option<Day>, today: Day, days: int)
    requires Expired(endDate, today)
    ensures ExtendedEndDate(endDate, today, days) == today + days
  {
  }

  /** A running membership keeps its remaining time: the days are appended to the end date. */
  lemma ActiveKeepsRemainingTime(endDate: Day, today: Day, days: int)
    requires today <= endDate
    ensures ExtendedEndDate(Some(endDate), today, days) == endDate + days
  {
  }

  /** Recording the same payment twice extends the membership twice: the operation is not idempotent. */
  lemma RepeatedPaymentExtendsTwice(endDate: Option<Day>, today: Day, days: int)
    requires days >= 0
    ensures ExtendedEndDate(Some(ExtendedEndDate(endDate, today, days)), today, days)
            == ExtendedEndDate(endDate, today, days) + days
  {
  }

  /** The method stored for a payment: the given one, or `'Cash'` when none is given. */
  function StoredMethod(paymentMethod: string): (r: string)
    ensures r != ""
    ensures paymentMethod != "" ==> r == paymentMethod
    ensures paymentMethod == "" ==> r == "Cash"
  {
    OrString(paymentMethod, "Cash")
  }

  /** The sum of the amounts of `payments`. */
  function SumAmounts(payments: seq<Payment>): int {
    if payments == [] then 0 else payments[0].amount + SumAmounts(payments[1..])
  }

  lemma {:induction false} SumAmountsAppend(p: seq<Payment>, q: seq<Payment>)
    ensures SumAmounts(p + q) == SumAmounts(p) + SumAmounts(q)
  {
    if p == [] {
      assert p + q == q;
    } else {
      assert (p + q)[1..] == p[1..] + q;
      SumAmountsAppend(p[1..], q);
    }
  }

  /** `SELECT SUM(amount)`: SQL gives NULL for an empty table. */
  function SqlSum(payments: seq<Payment>): Option<int> {
    if payments == [] then None else Some(SumAmounts(payments))
  }

  /** `SUM(amount) || 0`: the total of all payment amounts, 0 when there are none. */
  function TotalRevenue(payments: seq<Payment>): (r: int)
    ensures r == SumAmounts(payments)
    ensures payments == [] ==> r == 0
  {
    match SqlSum(payments)
    case None => 0
    case Some(total) => if total != 0 then total else 0
  }

  /** Revenue over two runs of payments is the sum of their revenues. */
  lemma RevenueAdditive(p: seq<Payment>, q: seq<Payment>)
    ensures TotalRevenue(p + q) == TotalRevenue(p) + TotalRevenue(q)
  {
    SumAmountsAppend(p, q);
  }

  /** With no negative amount recorded, revenue is not negative. */
  lemma {:induction false} RevenueNonNegative(payments: seq<Payment>)
    requires forall i | 0 <= i < |payments| :: payments[i].amount >= 0
    ensures TotalRevenue(payments) >= 0
  {
    if payments != [] {
      assert forall i | 0 <= i < |payments[1..]| :: payments[1..][i].amount >= 0 by {
        forall i | 0 <= i < |payments[1..]| ensures payments[1..][i].amount >= 0 {
          assert payments[1..][i] == payments[i + 1];
        }
      }
      RevenueNonNegative(payments[1..]);
    }
  }

  /** Records a payment and extends the member's membership, as one transaction: the payment
      insert, the member lookup and the member update either all take effect or none does.
      `fault` stands for the store rejecting one of the statements. */
  method AddPayment(db: Database, memberId: int, amount: int, paymentMethod: string,
                    durationDays: int, remarks: Option<string>, today: Day, now: Timestamp,
                    fault: Fault)
    returns (r: AddPaymentResult)
    requires db.Valid()
    modifies db
    ensures db.Valid()
    ensures r.MemberNotFound? <==> fault != InsertFails && memberId !in old(db.members)
    ensures r.Recorded? <==> fault == NoFault && memberId in old(db.members)
    ensures !r.Recorded? ==>
      && db.members == old(db.members) && db.payments == old(db.payments)
      && db.nextPaymentId == old(db.nextPaymentId)
    ensures r.Recorded? ==>
      && r.paymentId == old(db.nextPaymentId)
      && r.newEndDate == ExtendedEndDate(old(db.members)[memberId].endDate, today, durationDays)
      && db.payments == old(db.payments) + [Payment(r.paymentId, memberId, amount,
           StoredMethod(paymentMethod), durationDays, remarks, now)]
      && db.members == old(db.members)[memberId :=
           old(db.members)[memberId].(endDate := Some(r.newEndDate), status := "active")]
      && db.nextPaymentId == old(db.nextPaymentId) + 1
      && TotalRevenue(db.payments) == TotalRevenue(old(db.payments)) + amount
    ensures db.plans == old(db.plans)
    ensures db.nextMemberId == old(db.nextMemberId) && db.nextPlanId == old(db.nextPlanId)
  {
    // BEGIN: the transaction works on copies of the two tables it touches;
    // ROLLBACK discards the copies, COMMIT writes them back.
    var payments := db.payments;
    var members := db.members;

    // 1. Insert the payment row.
    if fault == InsertFails {
      return StorageFailure;
    }
    var paymentId := db.nextPaymentId;
    payments := payments + [Payment(paymentId, memberId, amount, StoredMethod(paymentMethod),
                                    durationDays, remarks, now)];

    // 2. Read the member's end date.
    if memberId !in members {
      return MemberNotFound;
    }
    var current := members[memberId];
    var newEndDate: Day;
    if Expired(current.endDate, today) {
      newEndDate := today;
    } else {
      newEndDate := current.endDate.value;
    }
    newEndDate := newEndDate + durationDays;

    // 3. Update the member's end date and status.
    if fault == UpdateFails {
      return StorageFailure;
    }
    members := members[memberId := current.(endDate := Some(newEndDate), status := "active")];

    // COMMIT
    if fault == CommitFails {
      return StorageFailure;
    }
    ghost var inserted := [payments[|payments| - 1]];
    assert payments == db.payments + inserted;
    assert inserted[1..] == [] && SumAmounts(inserted) == amount;
    RevenueAdditive(db.payments, inserted);
    db.payments, db.members, db.nextPaymentId := payments, members, paymentId + 1;
    r := Recorded(newEndDate, paymentId);
  }

  /** A row of the payment history: the payment joined with its member's name and email. */
  datatype HistoryRow = HistoryRow(payment: Payment, fullName: string, email: string)

  /** The payment passes the join (its member still exists) and the optional member filter. */
  predicate InHistory(p: Payment, members: map<int, Member>, memberFilter: Option<int>) {
    p.memberId in members && (memberFilter.None? || p.memberId == memberFilter.value)
  }

  function JoinedRow(p: Payment, members: map<int, Member>): HistoryRow
    requires p.memberId in members
  {
    HistoryRow(p, members[p.memberId].fullName, members[p.memberId].email)
  }

  /** How often the history query should list payment `p`: as often as it occurs in the
      table when it passes the join and the filter, otherwise never. */
  function Selected(p: Payment, payments: seq<Payment>, members: map<int, Member>,
                    memberFilter: Option<int>): nat {
    if InHistory(p, members, memberFilter) then multiset(payments)[p] else 0
  }

  /** The payments the history rows were built from, in row order. */
  function PaymentsOf(rows: seq<HistoryRow>): seq<Payment> {
    if rows == [] then [] else [rows[0].payment] + PaymentsOf(rows[1..])
  }

  /** The `JOIN` and `WHERE` of the history query, in table order. */
  function JoinAndFilter(payments: seq<Payment>, members: map<int, Member>, memberFilter: Option<int>)
    : (r: seq<HistoryRow>)
    ensures forall i | 0 <= i < |r| ::
      InHistory(r[i].payment, members, memberFilter) && r[i] == JoinedRow(r[i].payment, members)
    ensures forall p :: multiset(PaymentsOf(r))[p] == Selected(p, payments, members, memberFilter)
  {
    if payments == [] then []
    else
      var rest := JoinAndFilter(payments[1..], members, memberFilter);
      assert payments == [payments[0]] + payments[1..];
      if InHistory(payments[0], members, memberFilter) then
        var r := [JoinedRow(payments[0], members)] + rest;
        assert r[1..] == rest;
        r
      else rest
  }

  /** Each payment that passes the join and the filter gives a history row, every row comes
      from the table, and there are no more rows than payments. */
  lemma JoinedRowsAreExact(payments: seq<Payment>, members: map<int, Member>, memberFilter: Option<int>)
    ensures var r := JoinAndFilter(payments, members, memberFilter);
            && |r| <= |payments|
            && (forall i | 0 <= i < |r| :: r[i].payment in payments)
            && (forall i | 0 <= i < |payments| && InHistory(payments[i], members, memberFilter) ::
                 JoinedRow(payments[i], members) in r)
  {
    var r := JoinAndFilter(payments, members, memberFilter);
    PaymentsOfIndex(r);
    RowsFromTable(r, payments, members, memberFilter);
    RowsCoverTable(r, payments, members, memberFilter);
    SubMultisetShorter(PaymentsOf(r), payments, members, memberFilter);
  }

  lemma RowsFromTable(r: seq<HistoryRow>, payments: seq<Payment>, members: map<int, Member>,
                      memberFilter: Option<int>)
    requires |PaymentsOf(r)| == |r|
    requires forall i | 0 <= i < |r| :: PaymentsOf(r)[i] == r[i].payment
    requires forall p :: multiset(PaymentsOf(r))[p] == Selected(p, payments, members, memberFilter)
    ensures forall i | 0 <= i < |r| :: r[i].payment in payments
  {
    var q := PaymentsOf(r);
    forall i | 0 <= i < |r| ensures r[i].payment in payments {
      assert q[i] in multiset(q);
      assert Selected(q[i], payments, members, memberFilter) > 0;
    }
  }

  lemma RowsCoverTable(r: seq<HistoryRow>, payments: seq<Payment>, members: map<int, Member>,
                       memberFilter: Option<int>)
    requires |PaymentsOf(r)| == |r|
    requires forall i | 0 <= i < |r| :: PaymentsOf(r)[i] == r[i].payment
    requires forall i | 0 <= i < |r| ::
      InHistory(r[i].payment, members, memberFilter) && r[i] == JoinedRow(r[i].payment, members)
    requires forall p :: multiset(PaymentsOf(r))[p] == Selected(p, payments, members, memberFilter)
    ensures forall i | 0 <= i < |payments| && InHistory(payments[i], members, memberFilter) ::
      JoinedRow(payments[i], members) in r
  {
    var q := PaymentsOf(r);
    forall i | 0 <= i < |payments| && InHistory(payments[i], members, memberFilter)
      ensures JoinedRow(payments[i], members) in r
    {
      assert payments[i] in multiset(payments);
      assert multiset(q)[payments[i]] > 0;
      assert payments[i] in q;
      var j :| 0 <= j < |q| && q[j] == payments[i];
      assert r[j] == JoinedRow(payments[i], members);
    }
  }

  /** `PaymentsOf` keeps the length and reads each row's payment. */
  lemma {:induction false} PaymentsOfIndex(rows: seq<HistoryRow>)
    ensures |PaymentsOf(rows)| == |rows|
    ensures forall i | 0 <= i < |rows| :: PaymentsOf(rows)[i] == rows[i].payment
  {
    if rows != [] {
      PaymentsOfIndex(rows[1..]);
    }
  }

  /** A selection of the payments, counted with multiplicity, is no longer than they are. */
  lemma SubMultisetShorter(q: seq<Payment>, payments: seq<Payment>, members: map<int, Member>,
                           memberFilter: Option<int>)
    requires forall p :: multiset(q)[p] == Selected(p, payments, members, memberFilter)
    ensures |q| <= |payments|
  {
    assert multiset(q) <= multiset(payments);
    assert multiset(payments) == multiset(q) + (multiset(payments) - multiset(q));
  }

  /** The payment history, newest first: the rows of the join and filter, each exactly as
      often as there, reordered by payment date. */
  function PaymentHistory(payments: seq<Payment>, members: map<int, Member>, memberFilter: Option<int>)
    : (r: seq<HistoryRow>)
    ensures multiset(r) == multiset(JoinAndFilter(payments, members, memberFilter))
    ensures forall i | 0 <= i < |r| ::
      r[i].payment in payments && InHistory(r[i].payment, members, memberFilter)
      && r[i] == JoinedRow(r[i].payment, members)
    ensures forall i | 0 <= i < |payments| && InHistory(payments[i], members, memberFilter) ::
      JoinedRow(payments[i], members) in r
    ensures |r| <= |payments|
    ensures forall i, j | 0 <= i < j < |r| :: r[i].payment.paymentDate >= r[j].payment.paymentDate
  {
    var joined := JoinAndFilter(payments, members, memberFilter);
    JoinedRowsAreExact(payments, members, memberFilter);
    var r := SortBy(joined, (row: HistoryRow) => -row.payment.paymentDate);
    SameMembers(r, joined);
    r
  }

  /** With a member filter, only that member's payments are listed. */
  lemma HistoryOfOneMember(payments: seq<Payment>, members: map<int, Member>, memberId: int)
    ensures forall row | row in PaymentHistory(payments, members, Some(memberId)) ::
      row.payment.memberId == memberId
  {
  }

  /** Once a member is deleted, the join drops all of that member's payments. */
  lemma DeletedMemberHasNoHistory(payments: seq<Payment>, members: map<int, Member>, id: int,
                                  memberFilter: Option<int>)
    ensures forall row | row in PaymentHistory(payments, members - {id}, memberFilter) ::
      row.payment.memberId != id
  {
  }
}
