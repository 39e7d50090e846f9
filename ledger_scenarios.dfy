/** Clients of the controllers: the renewal scenarios of the membership ledger, followed
    through the controllers' contracts alone. */
module LedgerScenarios {
  import opened Store
  import opened MemberController
  import opened PaymentController

  /** A member whose membership ended yesterday restarts today. */
  method LapsedMemberRestartsToday(today: Day, now: Timestamp)
  {
    var db := new Database();
    var added := AddMember(db, "Sara", "sara@gym", "0300", Some(today - 60), Some(today - 1), "", now);
    assert added == MemberAdded(1);
    var paid := AddPayment(db, 1, 100, "", 30, None, today, now, NoFault);
    assert paid == Recorded(today + 30, 1);
    assert db.members[1].endDate == Some(today + 30);
    assert db.payments[0].paymentMethod == "Cash";
  }

  /** A member with ten days left keeps them. */
  method RunningMemberKeepsTime(today: Day, now: Timestamp)
  {
    var db := new Database();
    var added := AddMember(db, "Omar", "omar@gym", "0301", Some(today - 20), Some(today + 10), "", now);
    assert added == MemberAdded(1);
    var paid := AddPayment(db, 1, 250, "Card", 30, None, today, now, NoFault);
    assert paid == Recorded(today + 40, 1);
  }

  /** A member without an end date starts today and becomes active. */
  method NewcomerBecomesActive(today: Day, now: Timestamp)
  {
    var db := new Database();
    var added := AddMember(db, "Hina", "hina@gym", "0302", None, None, "inactive", now);
    assert added == MemberAdded(1);
    var paid := AddPayment(db, 1, 80, "Online Transfer", 15, None, today, now, NoFault);
    assert paid == Recorded(today + 15, 1);
    assert db.members[1].status == "active";
  }

  /** A payment for an unknown member is not kept. */
  method UnknownMemberLeavesNoPayment(today: Day, now: Timestamp)
  {
    var db := new Database();
    var missing := AddPayment(db, 42, 100, "Cash", 30, None, today, now, NoFault);
    assert missing == MemberNotFound;
    assert db.payments == [] && TotalRevenue(db.payments) == 0;
  }

  /** A store failure after the payment insert undoes the insert. */
  method FailedUpdateLeavesNoPayment(today: Day, now: Timestamp)
  {
    var db := new Database();
    var added := AddMember(db, "Zara", "zara@gym", "0304", None, Some(today - 3), "expired", now);
    assert added == MemberAdded(1);
    var failed := AddPayment(db, 1, 100, "Cash", 30, None, today, now, UpdateFails);
    assert failed == StorageFailure;
    assert db.payments == [];
    assert db.members[1].endDate == Some(today - 3) && db.members[1].status == "expired";
  }

  /** Paying twice records two payments and extends twice; revenue adds up. */
  method DoublePaymentExtendsTwice(today: Day, now: Timestamp)
  {
    var db := new Database();
    var added := AddMember(db, "Ali", "ali@gym", "0303", None, Some(today + 5), "", now);
    assert added == MemberAdded(1);
    var first := AddPayment(db, 1, 100, "", 30, None, today, now, NoFault);
    var second := AddPayment(db, 1, 250, "", 30, None, today, now + 1, NoFault);
    assert first == Recorded(today + 35, 1);
    assert second == Recorded(today + 65, 2);
    assert |db.payments| == 2;
    assert TotalRevenue(db.payments) == 350;
  }
}
