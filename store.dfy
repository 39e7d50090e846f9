/** The relational store behind the API: the `members`, `plans` and `payments` tables,
    held as in-memory values, and the rows they contain. */
module Store {
  import opened Ordering

  datatype Option<T> = None | Some(value: T)

  /** A calendar date, as a day number. */
  type Day = int
  /** A server-side timestamp (`created_at`, `payment_date`). */
  type Timestamp = int

  /** A row of `members`. Absent text fields are modelled as the empty string. */
  datatype Member = Member(
    id: int,
    fullName: string,
    email: string,
    phone: string,
    startDate: Option<Day>,
    endDate: Option<Day>,
    status: string,
    createdAt: Timestamp)

  /** A row of `plans`; `price` is in minor currency units. */
  datatype Plan = Plan(
    id: int,
    name: string,
    price: int,
    durationDays: int,
    features: Option<string>)

  /** A row of `payments`; `amount` is in minor currency units. */
  datatype Payment = Payment(
    id: int,
    memberId: int,
    amount: int,
    paymentMethod: string,
    durationExtension: int,
    remarks: Option<string>,
    paymentDate: Timestamp)

  /** The outcome of an update or a delete addressed by id. */
  datatype Outcome = Done | NotFound

  /** JavaScript `a || b` on a request's text field. */
  function OrString(a: string, b: string): string {
    if a != "" then a else b
  }

  /** JavaScript `a || b` on a request's numeric field: absent or 0 is falsy. */
  function OrNumber(a: Option<int>, b: int): int {
    if a.Some? && a.value != 0 then a.value else b
  }

  /** JavaScript `a || b` on an optional value: only an absent value is falsy. */
  function OrOption<T>(a: Option<T>, b: Option<T>): Option<T> {
    if a.Some? then a else b
  }

  /** Every key of an auto-increment table lies in `1 <= k < next` and names its own row. */
  ghost predicate MembersKeyed(members: map<int, Member>, next: int) {
    next >= 1 && forall k | k in members :: 1 <= k < next && members[k].id == k
  }

  ghost predicate PlansKeyed(plans: map<int, Plan>, next: int) {
    next >= 1 && forall k | k in plans :: 1 <= k < next && plans[k].id == k
  }

  /** Payment ids are issued in increasing order and lie below the counter. */
  ghost predicate PaymentsKeyed(payments: seq<Payment>, next: int) {
    && next >= 1
    && (forall i | 0 <= i < |payments| :: 1 <= payments[i].id < next)
    && (forall i, j | 0 <= i < j < |payments| :: payments[i].id < payments[j].id)
  }

  /** The database: three tables and their auto-increment counters. */
  class Database {
    var members: map<int, Member>
    var plans: map<int, Plan>
    var payments: seq<Payment>
    var nextMemberId: int
    var nextPlanId: int
    var nextPaymentId: int

    ghost predicate Valid()
      reads this
    {
      && MembersKeyed(members, nextMemberId)
      && PlansKeyed(plans, nextPlanId)
      && PaymentsKeyed(payments, nextPaymentId)
    }

    constructor ()
      ensures Valid()
      ensures members == map[] && plans == map[] && payments == []
      ensures nextMemberId == 1 && nextPlanId == 1 && nextPaymentId == 1
    {
      members, plans, payments := map[], map[], [];
      nextMemberId, nextPlanId, nextPaymentId := 1, 1, 1;
    }

    /** The rows of `members` in primary-key order. */
    function MemberRows(): (r: seq<Member>)
      reads this
      requires Valid()
      ensures forall k | k in members :: members[k] in r
      ensures forall m | m in r :: m.id in members && members[m.id] == m
      ensures forall i, j | 0 <= i < j < |r| :: r[i].id < r[j].id
    {
      TableRows(members, 1, nextMemberId, (m: Member) => m.id)
    }

    /** The rows of `plans` in primary-key order. */
    function PlanRows(): (r: seq<Plan>)
      reads this
      requires Valid()
      ensures forall k | k in plans :: plans[k] in r
      ensures forall p | p in r :: p.id in plans && plans[p.id] == p
      ensures forall i, j | 0 <= i < j < |r| :: r[i].id < r[j].id
    {
      TableRows(plans, 1, nextPlanId, (p: Plan) => p.id)
    }
  }
}
