/** The members endpoints: add, list, fetch, partial update and delete on the `members` table. */
module MemberController {
  import opened Store
  import opened Ordering

  datatype AddMemberResult = MemberAdded(memberId: int) | DuplicateContact

  /** Some existing member already has this email or this phone (the `OR` lookup before
      insert). An absent value is SQL NULL, and `= NULL` matches no row. */
  predicate ContactTaken(members: map<int, Member>, email: string, phone: string) {
    exists k | k in members ::
      (email != "" && members[k].email == email) || (phone != "" && members[k].phone == phone)
  }

  /** A request without an email is checked on its phone alone: stored members without an
      email are not duplicates of it. */
  lemma AbsentEmailMatchesNothing(members: map<int, Member>, phone: string)
    ensures ContactTaken(members, "", phone) <==>
      phone != "" && exists k | k in members :: members[k].phone == phone
  {
  }

  /** No two members share an email or a phone that is present. */
  ghost predicate UniqueContacts(members: map<int, Member>) {
    forall j, k | j in members && k in members && j != k ::
      && (members[j].email != "" ==> members[j].email != members[k].email)
      && (members[j].phone != "" ==> members[j].phone != members[k].phone)
  }

  /** The status a new member is stored with: the given one, or `'active'` when none is given. */
  function InitialStatus(status: string): (r: string)
    ensures r != ""
    ensures status != "" ==> r == status
    ensures status == "" ==> r == "active"
  {
    OrString(status, "active")
  }

  /** Registers a member unless the email or the phone is already in use. */
  method AddMember(db: Database, fullName: string, email: string, phone: string,
                   startDate: Option<Day>, endDate: Option<Day>, status: string, now: Timestamp)
    returns (r: AddMemberResult)
    requires db.Valid()
    modifies db
    ensures db.Valid()
    ensures r.DuplicateContact? <==> ContactTaken(old(db.members), email, phone)
    ensures r.DuplicateContact? ==>
      && db.members == old(db.members) && db.nextMemberId == old(db.nextMemberId)
    ensures r.MemberAdded? ==>
      && r.memberId == old(db.nextMemberId)
      && r.memberId !in old(db.members)
      && db.members == old(db.members)[r.memberId :=
           Member(r.memberId, fullName, email, phone, startDate, endDate, InitialStatus(status), now)]
      && db.nextMemberId == old(db.nextMemberId) + 1
    ensures UniqueContacts(old(db.members)) ==> UniqueContacts(db.members)
    ensures db.plans == old(db.plans) && db.payments == old(db.payments)
    ensures db.nextPlanId == old(db.nextPlanId) && db.nextPaymentId == old(db.nextPaymentId)
  {
    if ContactTaken(db.members, email, phone) {
      return DuplicateContact;
    }
    var id := db.nextMemberId;
    db.members := db.members[id := Member(id, fullName, email, phone, startDate, endDate, InitialStatus(status), now)];
    db.nextMemberId := id + 1;
    r := MemberAdded(id);
  }

  /** `SELECT * FROM members ORDER BY created_at DESC`. */
  function AllMembers(db: Database): (r: seq<Member>)
    reads db
    requires db.Valid()
    ensures forall k | k in db.members :: db.members[k] in r
    ensures forall m | m in r :: m.id in db.members && db.members[m.id] == m
    ensures multiset(r) == multiset(db.MemberRows())
    ensures forall i, j | 0 <= i < j < |r| :: r[i].createdAt >= r[j].createdAt
  {
    var r := SortBy(db.MemberRows(), (m: Member) => -m.createdAt);
    SameMembers(r, db.MemberRows());
    r
  }

  /** `SELECT * FROM members WHERE id = ?`: the row, or nothing when there is none. */
  function MemberById(members: map<int, Member>, id: int): (r: Option<Member>)
    ensures r.Some? <==> id in members
    ensures r.Some? ==> r.value == members[id]
  {
    if id in members then Some(members[id]) else None
  }

  /** The fields a partial update may carry; "" and None stand for a missing or empty field. */
  datatype MemberChanges = MemberChanges(
    fullName: string, email: string, phone: string, status: string, endDate: Option<Day>)

  /** The row after a partial update: each falsy new value keeps the old one. */
  function ApplyMemberChanges(m: Member, c: MemberChanges): (r: Member)
    ensures r.id == m.id && r.startDate == m.startDate && r.createdAt == m.createdAt
    ensures c.fullName != "" ==> r.fullName == c.fullName
    ensures c.fullName == "" ==> r.fullName == m.fullName
    ensures c.email != "" ==> r.email == c.email
    ensures c.email == "" ==> r.email == m.email
    ensures c.phone != "" ==> r.phone == c.phone
    ensures c.phone == "" ==> r.phone == m.phone
    ensures c.status != "" ==> r.status == c.status
    ensures c.status == "" ==> r.status == m.status
    ensures c.endDate.Some? ==> r.endDate == c.endDate
    ensures c.endDate.None? ==> r.endDate == m.endDate
  {
    m.(fullName := OrString(c.fullName, m.fullName),
       email := OrString(c.email, m.email),
       phone := OrString(c.phone, m.phone),
       status := OrString(c.status, m.status),
       endDate := OrOption(c.endDate, m.endDate))
  }

  /** An update never empties a field that was set: in particular `end_date` cannot be cleared. */
  lemma UpdateNeverClears(m: Member, c: MemberChanges)
    ensures m.endDate.Some? ==> ApplyMemberChanges(m, c).endDate.Some?
    ensures m.fullName != "" ==> ApplyMemberChanges(m, c).fullName != ""
    ensures m.email != "" ==> ApplyMemberChanges(m, c).email != ""
    ensures m.phone != "" ==> ApplyMemberChanges(m, c).phone != ""
    ensures m.status != "" ==> ApplyMemberChanges(m, c).status != ""
  {
  }

  /** Sending the same update twice has the effect of sending it once. */
  lemma UpdateIdempotent(m: Member, c: MemberChanges)
    ensures ApplyMemberChanges(ApplyMemberChanges(m, c), c) == ApplyMemberChanges(m, c)
  {
  }

  /** Partial update of one member; a missing id changes nothing. */
  method UpdateMember(db: Database, id: int, changes: MemberChanges) returns (r: Outcome)
    requires db.Valid()
    modifies db
    ensures db.Valid()
    ensures r.NotFound? <==> id !in old(db.members)
    ensures r.NotFound? ==> db.members == old(db.members)
    ensures r.Done? ==> db.members == old(db.members)[id := ApplyMemberChanges(old(db.members)[id], changes)]
    ensures db.plans == old(db.plans) && db.payments == old(db.payments)
    ensures db.nextMemberId == old(db.nextMemberId) && db.nextPlanId == old(db.nextPlanId)
    ensures db.nextPaymentId == old(db.nextPaymentId)
  {
    var check := MemberById(db.members, id);
    if check.None? {
      return NotFound;
    }
    db.members := db.members[id := ApplyMemberChanges(check.value, changes)];
    r := Done;
  }

  /** Deletes one member. The member's payments stay in `payments`. */
  method DeleteMember(db: Database, id: int) returns (r: Outcome)
    requires db.Valid()
    modifies db
    ensures db.Valid()
    ensures r.NotFound? <==> id !in old(db.members)
    ensures db.members == old(db.members) - {id}
    ensures db.plans == old(db.plans) && db.payments == old(db.payments)
    ensures db.nextMemberId == old(db.nextMemberId) && db.nextPlanId == old(db.nextPlanId)
    ensures db.nextPaymentId == old(db.nextPaymentId)
  {
    var affectedRows := if id in db.members then 1 else 0;
    db.members := db.members - {id};
    if affectedRows == 0 {
      return NotFound;
    }
    r := Done;
  }
}
